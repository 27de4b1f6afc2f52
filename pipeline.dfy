/**
 * main, without the prompt and the prints: discover the hops, stop when
 * there are none, otherwise look each hop up in hop order and build both the
 * map points and the saved route from the same two lists.
 *
 * The geolocation service is a parameter: service(i, ip) is its answer to
 * the i-th request, made for address ip. The capture time is a parameter too.
 */
module Pipeline {
  import opened AddressScan
  import opened Traceroute
  import opened Geolocation
  import opened RouteData

  /** What one run leaves behind. */
  datatype Outcome =
    | NoRoute   // "Could not get network hops.": no lookups, nothing written
    | Crashed   // an exception escaped get_traceroute
    | Saved(locations: seq<Location>, points: seq<Point>, route: Route)

  /** main's lookup loop: one request per hop, strictly in hop order. */
  method LocateAll(ips: seq<string>, service: (nat, string) -> Response) returns (locations: seq<Location>)
    ensures |locations| == |ips|
    ensures forall k :: 0 <= k < |ips| ==> locations[k] == GetIpLocation(service(k, ips[k]))
  {
    locations := [];
    for i := 0 to |ips|
      invariant |locations| == i
      invariant forall k :: 0 <= k < i ==> locations[k] == GetIpLocation(service(k, ips[k]))
    {
      locations := locations + [GetIpLocation(service(i, ips[i]))];
    }
  }

  method TraceMap(run: TraceRun, publicIp: Fetch, service: (nat, string) -> Response, timestamp: string)
    returns (out: Outcome)
    ensures out.NoRoute? <==> run.ExitedNonZero?
    ensures out.Crashed? <==> run.NotStarted? || (run.Completed? && publicIp.Unreachable?)
    ensures out.Saved? ==>
      run.Completed? && publicIp.Fetched? &&
      var ips, hops := FindAll(run.output), out.route.hops;
      out.route.timestamp == timestamp &&
      |hops| == Max(|ips| - DroppedMatches, 0) + 1 &&
      hops[0].ip == publicIp.text &&
      (forall k :: 1 <= k < |hops| ==> hops[k].ip == ips[k + DroppedMatches - 1]) &&
      |out.locations| == |hops| &&
      (forall i :: 0 <= i < |hops| ==>
        hops[i].hopNumber == i + 1 &&
        hops[i].location == out.locations[i] == GetIpLocation(service(i, hops[i].ip))) &&
      |out.points| == |hops| &&
      (forall i :: 0 <= i < |hops| ==>
        var h, loc := hops[i], hops[i].location;
        out.points[i] == Point(h.ip, loc.lat, loc.lon, loc.city, loc.country, loc.isp))
  {
    var d := GetTraceroute(run, publicIp);
    match d
    case Fault =>
      return Crashed;
    case Discovered(ips) =>
      if ips == [] {
        return NoRoute;
      }
      var locations := LocateAll(ips, service);
      var points := BuildPoints(ips, locations);
      var route := AssembleRoute(ips, locations, timestamp);
      RouteAndPointsAgree(route, points, ips, locations);
      return Saved(locations, points, route);
  }
}
