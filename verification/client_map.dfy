/**
 * The map screen: the selected day's visits in time order, which clients get a marker and which
 * markers are highlighted, and the route drawn through the day's visits.
 */
module ClientMap {
  import opened Basics
  import opened Types
  import opened Sorting
  import opened Calendar
  import Schedule

  /** The visit is on the map's day and not Cancelada. */
  predicate OnRoute(day: Date, v: Visit) {
    v.date == day && v.status != Cancelled
  }

  /** The day's visits that are not Cancelada, in list order. */
  function RouteVisits(visits: seq<Visit>, day: Date): (r: seq<Visit>)
    ensures forall i :: 0 <= i < |r| ==> OnRoute(day, r[i])
    ensures IsSubsequence(r, visits)
  {
    Filter(visits, v => OnRoute(day, v))
  }

  /** `daysVisits`: those visits sorted by 'HH:mm', ties in list order. */
  function DaysVisits(visits: seq<Visit>, day: Date): (r: seq<Visit>)
    ensures SortedBy(r, Schedule.TimeKey)
    ensures forall k :: WithKey(r, Schedule.TimeKey, k) == WithKey(RouteVisits(visits, day), Schedule.TimeKey, k)
    ensures multiset(r) == multiset(RouteVisits(visits, day))
  {
    SortBy(RouteVisits(visits, day), Schedule.TimeKey)
  }

  /** Exactly the day's visits that are not Cancelada are on the route. */
  lemma DaysVisitsMembers(visits: seq<Visit>, day: Date, v: Visit)
    ensures v in DaysVisits(visits, day) <==> v in visits && OnRoute(day, v)
  {
    var r := DaysVisits(visits, day);
    var f := RouteVisits(visits, day);
    assert v in r <==> v in multiset(r);
    assert v in f <==> v in multiset(f);
    if v in visits && OnRoute(day, v) {
      var i :| 0 <= i < |visits| && visits[i] == v;
      assert v in f;
    }
  }

  /** A JavaScript number's truthiness: present and not zero. */
  predicate Truthy(x: Option<real>) {
    x.Some? && x.value != 0.0
  }

  predicate HasCoordinates(c: Client) {
    Truthy(c.lat) && Truthy(c.lng)
  }

  /** `daysVisits.some(v => v.clientId === client.id)`. */
  function VisitedOn(days: seq<Visit>, id: string): (b: bool)
    ensures b <==> exists i :: 0 <= i < |days| && days[i].clientId == id
  {
    if days == [] then false
    else if days[0].clientId == id then true
    else
      var b := VisitedOn(days[1..], id);
      assert b ==> exists i :: 0 <= i < |days| && days[i].clientId == id by {
        if b {
          var i :| 0 <= i < |days[1..]| && days[1..][i].clientId == id;
          assert days[i + 1] == days[1..][i];
        }
      }
      b
  }

  datatype Marker = Marker(clientId: string, lat: real, lng: real, highlighted: bool)

  /** The client's marker, if it has one; highlighted when the client is visited that day. */
  function MarkerFor(c: Client, days: seq<Visit>): (r: Option<Marker>)
    ensures r.Some? <==> HasCoordinates(c)
    ensures r.Some? ==> r.value.clientId == c.id && Some(r.value.lat) == c.lat && Some(r.value.lng) == c.lng
    ensures r.Some? ==> (r.value.highlighted <==> exists i :: 0 <= i < |days| && days[i].clientId == c.id)
  {
    if HasCoordinates(c) then Some(Marker(c.id, c.lat.value, c.lng.value, VisitedOn(days, c.id))) else None
  }

  /** A coordinate of exactly 0 hides the client, like a missing one. */
  lemma ZeroCoordinateHidesMarker(c: Client, days: seq<Visit>)
    requires c.lat == Some(0.0) || c.lng == Some(0.0)
    ensures MarkerFor(c, days).None?
  {
  }

  /** `m` is the marker of one of the clients. */
  predicate MarkerOfSome(clients: seq<Client>, days: seq<Visit>, m: Marker) {
    exists k :: 0 <= k < |clients| && MarkerFor(clients[k], days) == Some(m)
  }

  /** A marker of one of the later clients is a marker of one of the clients. */
  lemma MarkerOfLater(clients: seq<Client>, days: seq<Visit>, m: Marker)
    requires clients != [] && MarkerOfSome(clients[1..], days, m)
    ensures MarkerOfSome(clients, days, m)
  {
    var k :| 0 <= k < |clients[1..]| && MarkerFor(clients[1..][k], days) == Some(m);
    assert clients[k + 1] == clients[1..][k];
  }

  /** The markers drawn, in client order. */
  function Markers(clients: seq<Client>, days: seq<Visit>): (r: seq<Marker>)
    ensures |r| <= |clients|
    ensures forall i :: 0 <= i < |clients| && HasCoordinates(clients[i]) ==> MarkerFor(clients[i], days).value in r
    ensures forall i :: 0 <= i < |r| ==> MarkerOfSome(clients, days, r[i])
  {
    if clients == [] then []
    else
      var rest := Markers(clients[1..], days);
      assert forall i :: 1 <= i < |clients| ==> clients[i] == clients[1..][i - 1];
      assert forall i :: 0 <= i < |rest| ==> MarkerOfSome(clients, days, rest[i]) by {
        forall i | 0 <= i < |rest| ensures MarkerOfSome(clients, days, rest[i]) {
          MarkerOfLater(clients, days, rest[i]);
        }
      }
      match MarkerFor(clients[0], days)
      case Some(m) =>
        assert MarkerOfSome(clients, days, m);
        assert forall i :: 1 <= i < |[m] + rest| ==> ([m] + rest)[i] == rest[i - 1];
        [m] + rest
      case None => rest
  }

  /** The markers of clients that all have coordinates, one each, in order. */
  function MarkersOf(cs: seq<Client>, days: seq<Visit>): (r: seq<Marker>)
    requires forall i :: 0 <= i < |cs| ==> HasCoordinates(cs[i])
    ensures |r| == |cs|
    ensures forall i :: 0 <= i < |r| ==> Some(r[i]) == MarkerFor(cs[i], days)
  {
    if cs == [] then [] else [MarkerFor(cs[0], days).value] + MarkersOf(cs[1..], days)
  }

  /** The markers are exactly those of the clients with coordinates, in client order: one marker per such client and no other. */
  lemma {:induction false} MarkersAreClientsWithCoordinates(clients: seq<Client>, days: seq<Visit>)
    ensures Markers(clients, days) == MarkersOf(Filter(clients, HasCoordinates), days)
  {
    if clients != [] {
      MarkersAreClientsWithCoordinates(clients[1..], days);
      var tail := Filter(clients[1..], HasCoordinates);
      if HasCoordinates(clients[0]) {
        assert Filter(clients, HasCoordinates) == [clients[0]] + tail;
        assert ([clients[0]] + tail)[1..] == tail;
      } else {
        assert Filter(clients, HasCoordinates) == tail;
      }
    }
  }

  /** The visit's client is found and has coordinates. */
  predicate Resolved(clients: seq<Client>, v: Visit) {
    var c := FindClient(clients, v.clientId);
    c.Some? && HasCoordinates(c.value)
  }

  datatype Point = Point(lat: real, lng: real)

  /** The point a resolved visit contributes. */
  function PointOf(clients: seq<Client>, v: Visit): Point
    requires Resolved(clients, v)
  {
    var c := FindClient(clients, v.clientId).value;
    Point(c.lat.value, c.lng.value)
  }

  /** `routePoints`: one point per day visit whose client is found with coordinates, in visit order. */
  function RoutePoints(days: seq<Visit>, clients: seq<Client>): (r: seq<Point>)
    ensures |r| == |Filter(days, v => Resolved(clients, v))| <= |days|
  {
    if days == [] then []
    else
      var rest := RoutePoints(days[1..], clients);
      if Resolved(clients, days[0]) then [PointOf(clients, days[0])] + rest else rest
  }

  /** The points of visits that all resolve, in order. */
  function PointsOf(clients: seq<Client>, vs: seq<Visit>): (r: seq<Point>)
    requires forall i :: 0 <= i < |vs| ==> Resolved(clients, vs[i])
    ensures |r| == |vs|
  {
    if vs == [] then [] else [PointOf(clients, vs[0])] + PointsOf(clients, vs[1..])
  }

  /** The route is the resolved day visits' points, in order: the other visits are skipped. */
  lemma {:induction false} RoutePointsAreResolvedVisits(days: seq<Visit>, clients: seq<Client>)
    ensures RoutePoints(days, clients) == PointsOf(clients, Filter(days, v => Resolved(clients, v)))
  {
    if days != [] {
      RoutePointsAreResolvedVisits(days[1..], clients);
      var p := v => Resolved(clients, v);
      var tail := Filter(days[1..], p);
      if Resolved(clients, days[0]) {
        assert Filter(days, p) == [days[0]] + tail;
        assert ([days[0]] + tail)[1..] == tail;
      } else {
        assert Filter(days, p) == tail;
      }
    }
  }

  /** A polyline is drawn: more than one day visit, and more than one point. */
  predicate DrawsRoute(days: seq<Visit>, clients: seq<Client>) {
    |days| > 1 && |RoutePoints(days, clients)| > 1
  }

  /** The outer check on the day's visits is implied by the inner one: a route needs two resolved visits. */
  lemma RouteIffTwoResolved(days: seq<Visit>, clients: seq<Client>)
    ensures DrawsRoute(days, clients) <==> |Filter(days, v => Resolved(clients, v))| >= 2
  {
    RoutePointsAreResolvedVisits(days, clients);
  }
}
