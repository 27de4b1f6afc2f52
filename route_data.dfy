/**
 * The two structures built from the hop list and its locations: the route
 * record of save_route_data and the map points of create_map_visualization.
 * Both pair the lists by position, as zip does, so the shorter list decides
 * the length. Writing them to files is not modelled.
 */
module RouteData {
  import opened Options
  import opened Geolocation

  /** One hop of the saved route: its number, counted from 1, its address and its location. */
  datatype Hop = Hop(hopNumber: nat, ip: string, location: Location)

  /** The saved route: the capture time (an ISO-8601 text, an input here) and the hops in order. */
  datatype Route = Route(timestamp: string, hops: seq<Hop>)

  /** One marker of the map, the location's fields flattened beside the address. */
  datatype Point = Point(ip: string, lat: Value, lon: Value, city: Value, country: Value, isp: Value)

  /** hops is the zip of ips and locations, numbered 1, 2, 3, ... */
  ghost predicate NumberedZip(hops: seq<Hop>, ips: seq<string>, locations: seq<Location>) {
    |hops| == Min(|ips|, |locations|) &&
    forall i :: 0 <= i < |hops| ==>
      hops[i].hopNumber == i + 1 && hops[i].ip == ips[i] && hops[i].location == locations[i]
  }

  /** points is the zip of ips and locations, each location's fields copied beside its address. */
  ghost predicate FlatZip(points: seq<Point>, ips: seq<string>, locations: seq<Location>) {
    |points| == Min(|ips|, |locations|) &&
    forall i :: 0 <= i < |points| ==>
      var p, loc := points[i], locations[i];
      p.ip == ips[i] && p.lat == loc.lat && p.lon == loc.lon &&
      p.city == loc.city && p.country == loc.country && p.isp == loc.isp
  }

  /** save_route_data's loop: one hop per positional pair, appended in order. */
  method AssembleRoute(ips: seq<string>, locations: seq<Location>, timestamp: string) returns (route: Route)
    ensures route.timestamp == timestamp
    ensures NumberedZip(route.hops, ips, locations)
  {
    var hops: seq<Hop> := [];
    var n := Min(|ips|, |locations|);
    for i := 0 to n
      invariant |hops| == i
      invariant forall k :: 0 <= k < i ==>
        hops[k].hopNumber == k + 1 && hops[k].ip == ips[k] && hops[k].location == locations[k]
    {
      hops := hops + [Hop(i + 1, ips[i], locations[i])];
    }
    route := Route(timestamp, hops);
  }

  /** create_map_visualization's loop: one point per positional pair, appended in order. */
  method BuildPoints(ips: seq<string>, locations: seq<Location>) returns (points: seq<Point>)
    ensures FlatZip(points, ips, locations)
  {
    points := [];
    var n := Min(|ips|, |locations|);
    for i := 0 to n
      invariant |points| == i
      invariant forall k :: 0 <= k < i ==>
        var p, loc := points[k], locations[k];
        p.ip == ips[k] && p.lat == loc.lat && p.lon == loc.lon &&
        p.city == loc.city && p.country == loc.country && p.isp == loc.isp
    {
      var location := locations[i];
      points := points + [Point(ips[i], location.lat, location.lon, location.city, location.country, location.isp)];
    }
  }

  /** The numbers the hops carry. */
  function HopNumbers(hops: seq<Hop>): set<nat> {
    set h | h in hops :: h.hopNumber
  }

  /** Hop numbers run 1, 2, ..., n: strictly increasing, no gaps, no repeats. */
  lemma {:induction false} HopNumbersContiguous(hops: seq<Hop>, ips: seq<string>, locations: seq<Location>)
    requires NumberedZip(hops, ips, locations)
    ensures forall i, j :: 0 <= i < j < |hops| ==> hops[i].hopNumber < hops[j].hopNumber
    ensures forall k :: k in HopNumbers(hops) <==> 1 <= k <= |hops|
  {
    forall k | 1 <= k <= |hops| ensures k in HopNumbers(hops) {
      assert hops[k - 1] in hops;
    }
  }

  /** The route and the map describe the same path: point i is hop i flattened. */
  lemma RouteAndPointsAgree(route: Route, points: seq<Point>, ips: seq<string>, locations: seq<Location>)
    requires NumberedZip(route.hops, ips, locations)
    requires FlatZip(points, ips, locations)
    ensures |points| == |route.hops|
    ensures forall i :: 0 <= i < |points| ==>
      var h := route.hops[i];
      points[i] == Point(h.ip, h.location.lat, h.location.lon, h.location.city, h.location.country, h.location.isp)
  {
  }
}
