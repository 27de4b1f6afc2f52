/**
 * get_traceroute: scan the trace tool's output for addresses, drop the first
 * two matches (the tool's banner line and local gateway noise), and put the
 * caller's public address in front.
 *
 * The process run and the public-address request are inputs: what the
 * process did, and what the request returned.
 */
module Traceroute {
  import opened AddressScan

  /** How the trace command ended. */
  datatype TraceRun =
    | Completed(output: string)  // exit status 0, with its text output
    | ExitedNonZero              // CalledProcessError: caught
    | NotStarted                 // any other exception (command missing, undecodable output): not caught

  /** The public-address request: the response body, or an exception. */
  datatype Fetch = Fetched(text: string) | Unreachable

  /** The list get_traceroute returns, or an exception that escapes it. */
  datatype Discovery = Discovered(hops: seq<string>) | Fault

  /** Number of leading matches dropped: the banner line and local gateway noise. */
  const DroppedMatches := 2

  function Max(a: int, b: int): int { if a < b then b else a }

  /**
   * The hop list: the public address first, then every match after the first
   * two, in the order of the text, repeats kept.
   */
  method GetTraceroute(run: TraceRun, publicIp: Fetch) returns (d: Discovery)
    ensures run.ExitedNonZero? ==> d == Discovered([])
    ensures run.NotStarted? ==> d == Fault
    ensures run.Completed? && publicIp.Unreachable? ==> d == Fault
    ensures run.Completed? && publicIp.Fetched? ==>
      var ips := FindAll(run.output);
      d.Discovered? &&
      |d.hops| == Max(|ips| - DroppedMatches, 0) + 1 &&
      d.hops[0] == publicIp.text &&
      forall k :: 1 <= k < |d.hops| ==> d.hops[k] == ips[k + DroppedMatches - 1]
  {
    match run
    case ExitedNonZero =>
      return Discovered([]);
    case NotStarted =>
      return Fault;
    case Completed(output) =>
      var ips := FindAddresses(output);
      // Python's ips[2:] is empty when there are fewer than two matches
      var newIps := if |ips| >= DroppedMatches then ips[DroppedMatches..] else [];
      match publicIp
      case Unreachable =>
        return Fault;
      case Fetched(myIp) =>
        newIps := [myIp] + newIps;
        return Discovered(newIps);
  }
}
