/** The stop matcher of internal/garbage/adapter.go: it resolves each
    catalogue row's wall-clock arrival time to the next such instant in
    Taipei, skips rows that do not parse, filters, and ranks the rest by
    distance or by arrival time. The catalogue fetch (HTTP and JSON) and
    the haversine distance are outside the model: rows arrive already
    decoded and `dist` gives each coordinate's distance from the query
    point. */
module Garbage {
  import opened Common
  import opened GoStrings
  import opened Clock

  /** A distance in meters. */
  type Meters = r: real | 0.0 <= r

  datatype Coord = Coord(lat: real, lng: real)

  /** One catalogue row, reduced to the fields the matcher reads. `coords`
      is what parseCoordinates makes of the row's latitude and longitude
      strings: None when either of them is not a number. */
  datatype CollectionPoint = CollectionPoint(
    vehicleNumber: string,
    route: string,
    location: string,
    arrivalTime: string,
    coords: Option<Coord>)

  datatype Stop = Stop(name: string, coord: Coord, time: string)

  datatype Route = Route(id: string, name: string, stops: seq<Stop>)

  /** A ranked candidate: the stop, its route, its distance from the query
      point and its resolved arrival instant. */
  datatype NearestStop = NearestStop(stop: Stop, route: Route, distance: Meters, eta: int)

  /** garbage.TimeWindow: None stands for the zero time.Time, an unset
      bound. */
  datatype TimeWindow = TimeWindow(from: Option<int>, to: Option<int>)

  // ---------------------------------------------------------------------
  // Arrival times
  // ---------------------------------------------------------------------

  /** parseTimeToToday: layout "1504" for a four-character string and
      "15:04" for any other, read as that hour and minute, zero seconds, on
      the Taipei calendar day that holds `now`. */
  function ParseTimeToToday(s: string, now: int): (r: Option<int>)
    ensures r.Some? ==> DayStart(now, TaipeiOffset) <= r.value < DayStart(now, TaipeiOffset) + Day
    ensures r.Some? ==> (r.value - DayStart(now, TaipeiOffset)) % Minute == 0
  {
    var layout := if |s| == 4 then Compact else Colon;
    match ParseClock(s, layout)
    case None => None
    case Some((hour, minute)) => Some(AtClock(now, TaipeiOffset, hour, minute))
  }

  /** "HHMM" and "HH:MM" resolve to that time today; a four-character
      "H:MM" is handed to the "1504" layout and rejected. */
  lemma ParseTimeToTodayFormats(hour: int, minute: int, now: int)
    requires 0 <= hour < 24 && 0 <= minute < 60
    ensures ParseTimeToToday(Pad2(hour) + Pad2(minute), now) == Some(AtClock(now, TaipeiOffset, hour, minute))
    ensures ParseTimeToToday(Pad2(hour) + ":" + Pad2(minute), now) == Some(AtClock(now, TaipeiOffset, hour, minute))
    ensures hour < 10 ==> ParseTimeToToday([DigitChar(hour)] + ":" + Pad2(minute), now) == None
  {
  }

  /** The day rollover: a time today strictly before `now` is moved one day
      on, once. */
  function ResolveEta(t: int, now: int): (eta: int)
    ensures eta == t || (t < now && eta == t + Day)
    ensures DayStart(now, TaipeiOffset) <= t < DayStart(now, TaipeiOffset) + Day ==> now <= eta < now + Day
  {
    if t < now then t + Day else t
  }

  /** isTimeInWindow: both bounds inclusive, an unset bound unbounded. */
  function IsTimeInWindow(t: int, w: TimeWindow): (r: bool)
    ensures r <==> (w.from.None? || w.from.value <= t) && (w.to.None? || t <= w.to.value)
  {
    if w.from.None? && w.to.None? then true
    else if w.from.Some? && t < w.from.value then false
    else if w.to.Some? && t > w.to.value then false
    else true
  }

  // ---------------------------------------------------------------------
  // Per-row resolution and collection
  // ---------------------------------------------------------------------

  /** Which of the two queries a row is resolved for. */
  datatype Filter = Nearest | InWindow(window: TimeWindow, maxDistance: real)

  /** A row parses when both its coordinates and its arrival time do. */
  predicate Parses(p: CollectionPoint, now: int)
  {
    p.coords.Some? && ParseTimeToToday(p.arrivalTime, now).Some?
  }

  /** The arrival instant of a parsing row: its time today, rolled over to
      tomorrow when already past. */
  function RowEta(p: CollectionPoint, now: int): int
    requires Parses(p, now)
  {
    ResolveEta(ParseTimeToToday(p.arrivalTime, now).value, now)
  }

  /** The query's filter on a parsing row: the nearest query keeps every
      row; a window query keeps the rows within maxDistance (when it is
      positive) whose arrival lies in the window. */
  predicate Admits(f: Filter, p: CollectionPoint, dist: Coord -> Meters, now: int)
    requires Parses(p, now)
  {
    match f
    case Nearest => true
    case InWindow(window, maxDistance) =>
      (maxDistance <= 0.0 || dist(p.coords.value) <= maxDistance) && IsTimeInWindow(RowEta(p, now), window)
  }

  /** The stop, one-row route, distance and arrival that a row stands for. */
  function RowStop(p: CollectionPoint, dist: Coord -> Meters, now: int): NearestStop
    requires Parses(p, now)
  {
    NearestStop(Stop(p.location, p.coords.value, p.arrivalTime), Route(p.vehicleNumber, p.route, []), dist(p.coords.value), RowEta(p, now))
  }

  /** The body of the loops in FindNearestStops and FindStopsInTimeWindow
      for one row: the candidate it yields, or None when the row is
      skipped. A row is kept exactly when it parses and the filter admits
      it, and the candidate carries the row's own stop, route, distance and
      rolled-over arrival. */
  function Candidate(p: CollectionPoint, dist: Coord -> Meters, now: int, f: Filter): (c: Option<NearestStop>)
    ensures c.Some? <==> Parses(p, now) && Admits(f, p, dist, now)
    ensures c.Some? ==>
      && c.value.stop == Stop(p.location, p.coords.value, p.arrivalTime)
      && c.value.route == Route(p.vehicleNumber, p.route, [])
      && c.value.distance == dist(p.coords.value)
      && c.value.eta == ResolveEta(ParseTimeToToday(p.arrivalTime, now).value, now)
    ensures c.Some? ==> now <= c.value.eta < now + Day
    ensures c.Some? && f.InWindow? ==> IsTimeInWindow(c.value.eta, f.window)
    ensures c.Some? && f.InWindow? && f.maxDistance > 0.0 ==> c.value.distance <= f.maxDistance
  {
    if p.coords.None? then None
    else
      var coord := p.coords.value;
      var d := dist(coord);
      if f.InWindow? && f.maxDistance > 0.0 && d > f.maxDistance then None
      else
        match ParseTimeToToday(p.arrivalTime, now)
        case None => None
        case Some(t) =>
          var eta := ResolveEta(t, now);
          if f.InWindow? && !IsTimeInWindow(eta, f.window) then None
          else Some(NearestStop(Stop(p.location, coord, p.arrivalTime), Route(p.vehicleNumber, p.route, []), d, eta))
  }

  function OptionToSeq<T>(o: Option<T>): seq<T>
  {
    if o.Some? then [o.value] else []
  }

  /** The candidates of all rows, in catalogue order. */
  function Collect(cat: seq<CollectionPoint>, dist: Coord -> Meters, now: int, f: Filter): seq<NearestStop>
  {
    if |cat| == 0 then []
    else Collect(cat[..|cat| - 1], dist, now, f) + OptionToSeq(Candidate(cat[|cat| - 1], dist, now, f))
  }

  /** Every collected stop comes from some row. */
  lemma {:induction false} CollectedFromRow(cat: seq<CollectionPoint>, dist: Coord -> Meters, now: int, f: Filter, c: NearestStop)
    requires c in Collect(cat, dist, now, f)
    ensures exists i :: 0 <= i < |cat| && Candidate(cat[i], dist, now, f) == Some(c)
  {
    var n := |cat| - 1;
    var init := cat[..n];
    if c in Collect(init, dist, now, f) {
      CollectedFromRow(init, dist, now, f, c);
      var i :| 0 <= i < |init| && Candidate(init[i], dist, now, f) == Some(c);
      assert cat[i] == init[i];
    } else {
      assert Candidate(cat[n], dist, now, f) == Some(c);
    }
  }

  /** Every stop a row yields is collected. */
  lemma {:induction false} RowCollected(cat: seq<CollectionPoint>, dist: Coord -> Meters, now: int, f: Filter, i: int)
    requires 0 <= i < |cat| && Candidate(cat[i], dist, now, f).Some?
    ensures Candidate(cat[i], dist, now, f).value in Collect(cat, dist, now, f)
  {
    var n := |cat| - 1;
    var init := cat[..n];
    var last := OptionToSeq(Candidate(cat[n], dist, now, f));
    assert Collect(cat, dist, now, f) == Collect(init, dist, now, f) + last;
    if i < n {
      assert init[i] == cat[i];
      RowCollected(init, dist, now, f, i);
    } else {
      assert last == [Candidate(cat[i], dist, now, f).value];
    }
  }

  /** A stop is collected exactly when some row yields it. */
  lemma {:induction false} CollectMembers(cat: seq<CollectionPoint>, dist: Coord -> Meters, now: int, f: Filter, c: NearestStop)
    ensures c in Collect(cat, dist, now, f) <==> exists i :: 0 <= i < |cat| && Candidate(cat[i], dist, now, f) == Some(c)
  {
    if c in Collect(cat, dist, now, f) {
      CollectedFromRow(cat, dist, now, f, c);
    }
    if exists i :: 0 <= i < |cat| && Candidate(cat[i], dist, now, f) == Some(c) {
      var i :| 0 <= i < |cat| && Candidate(cat[i], dist, now, f) == Some(c);
      RowCollected(cat, dist, now, f, i);
    }
  }

  /** A query collects exactly the rows that parse and pass its filter,
      each as the stop, route, distance and arrival that the row stands
      for. */
  lemma CollectExactly(cat: seq<CollectionPoint>, dist: Coord -> Meters, now: int, f: Filter, c: NearestStop)
    ensures c in Collect(cat, dist, now, f) <==>
      exists i :: 0 <= i < |cat| && Parses(cat[i], now) && Admits(f, cat[i], dist, now) && c == RowStop(cat[i], dist, now)
  {
    CollectMembers(cat, dist, now, f, c);
    if exists i :: 0 <= i < |cat| && Parses(cat[i], now) && Admits(f, cat[i], dist, now) && c == RowStop(cat[i], dist, now) {
      var i :| 0 <= i < |cat| && Parses(cat[i], now) && Admits(f, cat[i], dist, now) && c == RowStop(cat[i], dist, now);
      assert Candidate(cat[i], dist, now, f) == Some(c);
    }
  }

  /** Every row that parses and passes the filter is collected. */
  lemma CollectComplete(cat: seq<CollectionPoint>, dist: Coord -> Meters, now: int, f: Filter)
    ensures forall i :: 0 <= i < |cat| && Parses(cat[i], now) && Admits(f, cat[i], dist, now) ==>
      RowStop(cat[i], dist, now) in Collect(cat, dist, now, f)
  {
    forall i | 0 <= i < |cat| && Parses(cat[i], now) && Admits(f, cat[i], dist, now)
      ensures RowStop(cat[i], dist, now) in Collect(cat, dist, now, f)
    {
      RowCollected(cat, dist, now, f, i);
    }
  }

  /** A rearrangement of the collected stops still holds every row that
      parses and passes the filter. */
  lemma HoldsAllCollected(cat: seq<CollectionPoint>, dist: Coord -> Meters, now: int, f: Filter, stops: seq<NearestStop>)
    requires multiset(stops) == multiset(Collect(cat, dist, now, f))
    ensures forall i :: 0 <= i < |cat| && Parses(cat[i], now) && Admits(f, cat[i], dist, now) ==>
      RowStop(cat[i], dist, now) in stops
  {
    CollectComplete(cat, dist, now, f);
    forall i | 0 <= i < |cat| && Parses(cat[i], now) && Admits(f, cat[i], dist, now)
      ensures RowStop(cat[i], dist, now) in stops
    {
      assert RowStop(cat[i], dist, now) in multiset(Collect(cat, dist, now, f));
    }
  }

  /** Every collected stop is resolved into [now, now + 24h), and a window
      query keeps only stops inside the window and, when maxDistance > 0,
      within maxDistance. */
  lemma {:induction false} CollectedStopsObeyFilter(cat: seq<CollectionPoint>, dist: Coord -> Meters, now: int, f: Filter)
    ensures forall c :: c in Collect(cat, dist, now, f) ==> now <= c.eta < now + Day
    ensures f.InWindow? ==> forall c :: c in Collect(cat, dist, now, f) ==> IsTimeInWindow(c.eta, f.window)
    ensures f.InWindow? && f.maxDistance > 0.0 ==> forall c :: c in Collect(cat, dist, now, f) ==> c.distance <= f.maxDistance
  {
    if |cat| > 0 {
      CollectedStopsObeyFilter(cat[..|cat| - 1], dist, now, f);
    }
  }

  /** The number of rows whose coordinates and arrival time both parse. */
  function CountParsing(cat: seq<CollectionPoint>, now: int): nat
  {
    if |cat| == 0 then 0
    else CountParsing(cat[..|cat| - 1], now) + (if Parses(cat[|cat| - 1], now) then 1 else 0)
  }

  /** The nearest-stop query yields one candidate per parsing row. */
  lemma {:induction false} CollectNearestCount(cat: seq<CollectionPoint>, dist: Coord -> Meters, now: int)
    ensures |Collect(cat, dist, now, Nearest)| == CountParsing(cat, now)
  {
    if |cat| > 0 {
      CollectNearestCount(cat[..|cat| - 1], dist, now);
    }
  }

  /** Any query yields at most one candidate per parsing row: a row whose
      coordinates or arrival time fail to parse never appears. */
  lemma {:induction false} CollectBoundedByParsing(cat: seq<CollectionPoint>, dist: Coord -> Meters, now: int, f: Filter)
    ensures |Collect(cat, dist, now, f)| <= CountParsing(cat, now)
  {
    if |cat| > 0 {
      CollectBoundedByParsing(cat[..|cat| - 1], dist, now, f);
    }
  }

  /** A window query with both bounds unset and no distance cap keeps
      every candidate of the nearest-stop query. */
  lemma {:induction false} UnboundedWindowKeepsAll(cat: seq<CollectionPoint>, dist: Coord -> Meters, now: int, maxDistance: real)
    requires maxDistance <= 0.0
    ensures Collect(cat, dist, now, InWindow(TimeWindow(None, None), maxDistance)) == Collect(cat, dist, now, Nearest)
  {
    if |cat| > 0 {
      UnboundedWindowKeepsAll(cat[..|cat| - 1], dist, now, maxDistance);
    }
  }

  // ---------------------------------------------------------------------
  // Ranking (sort.Slice, which is not stable: only order and content are
  // promised, never the order of ties)
  // ---------------------------------------------------------------------

  datatype SortKey = ByDistance | ByEta

  function Key(s: NearestStop, k: SortKey): real
  {
    if k == ByDistance then s.distance else s.eta as real
  }

  predicate SortedBy(s: seq<NearestStop>, k: SortKey)
  {
    forall i, j :: 0 <= i < j < |s| ==> Key(s[i], k) <= Key(s[j], k)
  }

  lemma AtLeastHead(x: NearestStop, s: seq<NearestStop>, rest: seq<NearestStop>, k: SortKey)
    requires |s| > 0 && SortedBy(s, k)
    requires Key(s[0], k) < Key(x, k)
    requires multiset(rest) == multiset(s[1..]) + multiset{x}
    ensures forall j :: 0 <= j < |rest| ==> Key(s[0], k) <= Key(rest[j], k)
  {
    forall j | 0 <= j < |rest|
      ensures Key(s[0], k) <= Key(rest[j], k)
    {
      assert rest[j] in multiset(rest);
      if rest[j] != x {
        assert rest[j] in multiset(s[1..]);
        var i :| 0 <= i < |s[1..]| && s[1..][i] == rest[j];
        assert s[i + 1] == rest[j];
      }
    }
  }

  /** Insertion of one stop into a sorted sequence. */
  function Insert(x: NearestStop, s: seq<NearestStop>, k: SortKey): (r: seq<NearestStop>)
    requires SortedBy(s, k)
    ensures SortedBy(r, k)
    ensures multiset(r) == multiset(s) + multiset{x}
  {
    if |s| == 0 then [x]
    else if Key(x, k) <= Key(s[0], k) then [x] + s
    else
      var rest := Insert(x, s[1..], k);
      AtLeastHead(x, s, rest, k);
      assert s == [s[0]] + s[1..];
      [s[0]] + rest
  }

  /** The stops in non-decreasing order of the key: a sorted permutation. */
  function SortBy(s: seq<NearestStop>, k: SortKey): (r: seq<NearestStop>)
    ensures SortedBy(r, k)
    ensures multiset(r) == multiset(s)
  {
    if |s| == 0 then []
    else
      assert s == s[..|s| - 1] + [s[|s| - 1]];
      Insert(s[|s| - 1], SortBy(s[..|s| - 1], k), k)
  }

  /** Cutting a sorted sequence after n elements keeps the n smallest. */
  lemma PrefixHoldsSmallest(s: seq<NearestStop>, n: int, k: SortKey)
    requires SortedBy(s, k) && 0 <= n <= |s|
    ensures multiset(s[..n]) <= multiset(s)
    ensures forall a, b :: a in s[..n] && b in multiset(s) - multiset(s[..n]) ==> Key(a, k) <= Key(b, k)
  {
    assert s == s[..n] + s[n..];
    assert multiset(s) - multiset(s[..n]) == multiset(s[n..]);
    forall a, b | a in s[..n] && b in multiset(s) - multiset(s[..n])
      ensures Key(a, k) <= Key(b, k)
    {
      var i :| 0 <= i < n && s[i] == a;
      assert b in multiset(s[n..]);
      var j :| 0 <= j < |s[n..]| && s[n..][j] == b;
      assert s[n + j] == b;
    }
  }

  // ---------------------------------------------------------------------
  // The two queries
  // ---------------------------------------------------------------------

  /** The shared loop: resolves every row in catalogue order and appends the
      ones that are kept. */
  method CollectCandidates(cat: seq<CollectionPoint>, dist: Coord -> Meters, now: int, f: Filter)
    returns (stops: seq<NearestStop>)
    ensures stops == Collect(cat, dist, now, f)
  {
    stops := [];
    var i := 0;
    while i < |cat|
      invariant 0 <= i <= |cat|
      invariant stops == Collect(cat[..i], dist, now, f)
    {
      assert cat[..i + 1][..i] == cat[..i];
      stops := stops + OptionToSeq(Candidate(cat[i], dist, now, f));
      i := i + 1;
    }
    assert cat[..|cat|] == cat;
  }

  /** FindNearestStops: every parsing row, sorted by distance, cut to
      `limit` entries when limit > 0, keeping the nearest ones; the error
      result is always nil. */
  method FindNearestStops(cat: seq<CollectionPoint>, dist: Coord -> Meters, now: int, limit: int)
    returns (stops: seq<NearestStop>, err: bool)
    ensures !err
    ensures SortedBy(stops, ByDistance)
    ensures limit <= 0 ==> multiset(stops) == multiset(Collect(cat, dist, now, Nearest))
    ensures limit <= 0 ==> forall i :: 0 <= i < |cat| && Parses(cat[i], now) ==> RowStop(cat[i], dist, now) in stops
    ensures limit > 0 ==> |stops| == Min(limit, CountParsing(cat, now))
    ensures limit > 0 ==> multiset(stops) <= multiset(Collect(cat, dist, now, Nearest))
    ensures limit > 0 ==> forall s, c :: s in stops && c in multiset(Collect(cat, dist, now, Nearest)) - multiset(stops)
                                         ==> s.distance <= c.distance
  {
    var found := CollectCandidates(cat, dist, now, Nearest);
    var sorted := SortBy(found, ByDistance);
    stops := if limit > 0 && |sorted| > limit then sorted[..limit] else sorted;
    CollectNearestCount(cat, dist, now);
    CutKeepsSmallest(found, sorted, limit, ByDistance);
    if limit <= 0 {
      HoldsAllCollected(cat, dist, now, Nearest, stops);
    }
    err := false;
  }

  /** What the cut after sorting keeps: everything when limit <= 0,
      otherwise the first min(limit, n) stops, none of them farther than a
      stop that was cut. */
  lemma CutKeepsSmallest(found: seq<NearestStop>, sorted: seq<NearestStop>, limit: int, k: SortKey)
    requires SortedBy(sorted, k) && multiset(sorted) == multiset(found)
    ensures var cut := if limit > 0 && |sorted| > limit then sorted[..limit] else sorted;
      && SortedBy(cut, k)
      && (limit <= 0 ==> multiset(cut) == multiset(found))
      && (limit > 0 ==> |cut| == Min(limit, |found|))
      && multiset(cut) <= multiset(found)
      && forall a, b :: a in cut && b in multiset(found) - multiset(cut) ==> Key(a, k) <= Key(b, k)
  {
    assert |sorted| == |found| by {
      assert |multiset(sorted)| == |multiset(found)|;
    }
    var n := if limit > 0 && |sorted| > limit then limit else |sorted|;
    PrefixHoldsSmallest(sorted, n, k);
    assert sorted[..|sorted|] == sorted;
  }

  /** FindStopsInTimeWindow: the rows within maxDistance (when it is
      positive) whose resolved arrival lies in the window, sorted by
      arrival; the error result is always nil. */
  method FindStopsInTimeWindow(cat: seq<CollectionPoint>, dist: Coord -> Meters, now: int, window: TimeWindow, maxDistance: real)
    returns (stops: seq<NearestStop>, err: bool)
    ensures !err
    ensures SortedBy(stops, ByEta)
    ensures multiset(stops) == multiset(Collect(cat, dist, now, InWindow(window, maxDistance)))
    ensures forall i :: 0 <= i < |cat| && Parses(cat[i], now) && Admits(InWindow(window, maxDistance), cat[i], dist, now) ==>
      RowStop(cat[i], dist, now) in stops
  {
    var found := CollectCandidates(cat, dist, now, InWindow(window, maxDistance));
    stops := SortBy(found, ByEta);
    HoldsAllCollected(cat, dist, now, InWindow(window, maxDistance), stops);
    err := false;
  }

  // ---------------------------------------------------------------------
  // First-match lookups
  // ---------------------------------------------------------------------

  /** The one-stop route GetRouteByID builds from a row. */
  function OneStopRoute(p: CollectionPoint): Route
    requires p.coords.Some?
  {
    Route(p.vehicleNumber, p.route, [Stop(p.location, p.coords.value, p.arrivalTime)])
  }

  predicate RouteRow(p: CollectionPoint, routeId: string)
  {
    p.vehicleNumber == routeId && p.coords.Some?
  }

  /** GetRouteByID: the first row with that vehicle number whose
      coordinates parse (rows with bad coordinates are passed over), as a
      one-stop route; None when there is none. */
  method GetRouteByID(cat: seq<CollectionPoint>, routeId: string) returns (r: Option<Route>)
    ensures r.None? <==> forall i :: 0 <= i < |cat| ==> !RouteRow(cat[i], routeId)
    ensures r.Some? ==> exists i :: 0 <= i < |cat| && RouteRow(cat[i], routeId) && r.value == OneStopRoute(cat[i])
                                    && forall j :: 0 <= j < i ==> !RouteRow(cat[j], routeId)
  {
    var i := 0;
    while i < |cat|
      invariant 0 <= i <= |cat|
      invariant forall j :: 0 <= j < i ==> !RouteRow(cat[j], routeId)
    {
      if cat[i].vehicleNumber == routeId {
        if cat[i].coords.Some? {
          return Some(OneStopRoute(cat[i]));
        }
      }
      i := i + 1;
    }
    return None;
  }

  /** GetStopFromRoute: the first stop of the route with that name. */
  method GetStopFromRoute(route: Route, stopName: string) returns (r: Option<Stop>)
    ensures r.None? <==> forall i :: 0 <= i < |route.stops| ==> route.stops[i].name != stopName
    ensures r.Some? ==> exists i :: 0 <= i < |route.stops| && route.stops[i] == r.value && r.value.name == stopName
                                    && forall j :: 0 <= j < i ==> route.stops[j].name != stopName
  {
    var i := 0;
    while i < |route.stops|
      invariant 0 <= i <= |route.stops|
      invariant forall j :: 0 <= j < i ==> route.stops[j].name != stopName
    {
      if route.stops[i].name == stopName {
        return Some(route.stops[i]);
      }
      i := i + 1;
    }
    return None;
  }

  /** GetCollectionPointByVehicleAndLocation: the first row with both that
      vehicle number and that location. */
  method GetCollectionPointByVehicleAndLocation(cat: seq<CollectionPoint>, vehicleNumber: string, location: string)
    returns (r: Option<CollectionPoint>)
    ensures r.None? <==> forall i :: 0 <= i < |cat| ==> !(cat[i].vehicleNumber == vehicleNumber && cat[i].location == location)
    ensures r.Some? ==> exists i :: 0 <= i < |cat| && cat[i] == r.value
                                    && r.value.vehicleNumber == vehicleNumber && r.value.location == location
                                    && forall j :: 0 <= j < i ==> !(cat[j].vehicleNumber == vehicleNumber && cat[j].location == location)
  {
    var i := 0;
    while i < |cat|
      invariant 0 <= i <= |cat|
      invariant forall j :: 0 <= j < i ==> !(cat[j].vehicleNumber == vehicleNumber && cat[j].location == location)
    {
      if cat[i].vehicleNumber == vehicleNumber && cat[i].location == location {
        return Some(cat[i]);
      }
      i := i + 1;
    }
    return None;
  }
}
