# traceroutemap: the hop-discovery-and-enrichment pipeline in Dafny

This project models the core of `network_path.py`, which traces the path to a target and draws it on a map:

- **Hop discovery** (`get_traceroute`). The trace tool's output is scanned with `re.findall` for the pattern `\d{1,3}\.\d{1,3}\.\d{1,3}\.\d{1,3}`. The first two matches are dropped, whatever they are (with a host name as target the banner line holds one address, so the second match dropped is usually the first hop's), and the caller's public address is put in front.
- **Geolocation** (`get_ip_location`). The service's answer for one address becomes a five-field location record. Every failure gives the same "Unknown" record.
- **The route record** (the loop of `save_route_data`). Hops are paired with their locations by position and numbered from 1.
- **The map points** (the loop of `create_map_visualization`). Each location's fields are flattened beside the hop's address.
- **`main`**. It stops when the hop list is empty. Otherwise it looks every hop up, in hop order, and builds both structures from the same two lists.

Modules, one per file:

- `Options` (`options.dfy`): the `Option` type and `Min`.
- `AddressScan` (`address_scan.dfy`): the regular-expression scan.
  - `MatchGroups` and `MatchAt` model the engine's attempt at one start position.
  - `ScanFrom` models findall's left-to-right loop, which resumes after each match.
  - `FindAddresses` is that loop written as a method.
  - These are proved equal to an independent, declarative reading of findall:
    - `IsDottedQuad` splits a candidate on '.' and asks for four groups of one to three digits.
    - `IsFindAll` describes the leftmost, non-overlapping matches, each the longest at its start.
  - Two worked texts show what the unanchored pattern does with runs of four digits:
    - `"1234.5.6.7"` yields `"234.5.6.7"`;
    - `"1.2.3.4567"` yields `"1.2.3.456"`.
- `Traceroute` (`traceroute.dfy`): `get_traceroute`. The trace run and the public-address request are inputs, each with the outcomes the source distinguishes:
  - a trace run that completes;
  - a trace run that exits non-zero, which is caught and gives `[]`;
  - a trace run that cannot be started, whose exception escapes;
  - a public-address request that fails, whose exception escapes.
- `Geolocation` (`geolocation.dfy`): `get_ip_location`.
  - The decoded JSON answer, or the failure of the request, is the input.
  - The three return paths are `Reported`, `Unknown` and `Unknown`.
- `RouteData` (`route_data.dfy`): the hop loop and the points loop.
- `Pipeline` (`pipeline.dfy`): `main` without the prompt, the prints and the files.

## Model

| member | source | states |
|---|---|---|
| AddressScan.DigitRunFacts | network_path.py:20 | the digit run a `\d` group can take from a position is all digits and maximal: the end of the text or a non-digit follows it |
| AddressScan.MatchGroupsSound | network_path.py:20 | whatever the engine matches with n groups left is n dot-separated groups of one to three digits |
| AddressScan.MatchGroupsComplete | network_path.py:20 | whenever n such groups start at a position, the engine matches there, at least as far |
| AddressScan.MatchAtExact | network_path.py:20-21 | a match attempt gives exactly the longest dotted quad starting at that position, and fails exactly when none starts there |
| AddressScan.Texts | network_path.py:21 | findall returns the matched substrings, one per span, in span order |
| AddressScan.ScanFromSatisfies | network_path.py:21 | the scan meets the description of findall: leftmost match first, longest at its start, resuming at its end, with no dotted quad at any position stepped over |
| AddressScan.FindAllUnique | network_path.py:21 | any list of spans that meets that description is the scan's result |
| AddressScan.ScanFromIsFindAll | network_path.py:20-21 | a span list meets the description of findall from a position if and only if it is what the scan returns |
| AddressScan.ScanFromOrdered | network_path.py:21 | the matches lie inside the text, in left-to-right order, and do not overlap |
| AddressScan.ScanFromDottedQuads | network_path.py:20-21 | every span the scan returns covers a dotted quad |
| AddressScan.ScanIsFindAll | network_path.py:20-21 | over the whole text, findall's result is exactly the scan from position 0, and it is ordered |
| AddressScan.FindAllDottedQuads | network_path.py:20-21 | every string `re.findall` returns is a dotted quad, the text of its own span of the output |
| AddressScan.FindAddresses | network_path.py:21 | the findall loop returns exactly the scan's matches, in order |
| AddressScan.LeadingRunAttempts | network_path.py:20 | on `1234.5.6.7` no match starts at the first digit, and the match from the second digit runs to the end |
| AddressScan.FourDigitLeadingRun | network_path.py:20-21 | on `1234.5.6.7` findall returns `["234.5.6.7"]` |
| AddressScan.TrailingRunAttempts | network_path.py:20 | on `1.2.3.4567` the first match stops after three digits of the last group, and none starts at the digit left over |
| AddressScan.FourDigitTrailingRun | network_path.py:20-21 | on `1.2.3.4567` findall returns `["1.2.3.456"]` |
| Traceroute.GetTraceroute | network_path.py:17-33 | a non-zero exit gives `[]`; a trace that cannot start, or an unreachable public-address request, raises; otherwise the result is the public address followed by all matches after the first two, so its length is max(N−2, 0)+1 and it is never empty |
| Geolocation.GetIpLocation | network_path.py:39-65 | when the service answers an object with status "success" and all five fields, the record is those five fields as sent; in every other case it is the "Unknown" record |
| Geolocation.NoPartialLocation | network_path.py:42-65 | a location is never part real and part sentinel: it is either the sentinel or entirely the service's fields |
| RouteData.AssembleRoute | network_path.py:71-82 | the route carries the timestamp, has min(len(ips), len(locations)) hops, and hop i has number i+1, the i-th address and the i-th location |
| RouteData.HopNumbersContiguous | network_path.py:76-78 | hop numbers strictly increase, and the set of numbers is exactly 1..n |
| RouteData.BuildPoints | network_path.py:261-270 | there are min(len(ips), len(locations)) points, and point i holds the i-th address and the i-th location's lat, lon, city, country and isp |
| RouteData.RouteAndPointsAgree | network_path.py:262-270 | built from the same lists, the map's point i is the route's hop i flattened, and both have the same length |
| Pipeline.LocateAll | network_path.py:289 | one location per hop, the i-th being the sentinel decision on the service's answer to the i-th request, made for the i-th hop |
| Pipeline.TraceMap | network_path.py:282-298 | the run stops with no lookups exactly when the trace exits non-zero; it fails exactly when get_traceroute raises; otherwise the saved route and the map points follow the discovered hops one to one, numbered from 1, located in hop order |

## Left out

- The choice between `tracert` and `traceroute` (lines 12-15) and the process run itself are left out. The run's outcome is an input.
- The HTTP requests are left out. Their outcomes are inputs:
  - to ipify: the body, or an exception;
  - to ip-api: the decoded document, or an exception.
- The geolocation service is a function of the request's index and the address. The model does not capture replies that vary with the time of the request.
- JSON decoding is left out. Values are kept opaque and copied, so float values are never interpreted.
- `datetime.now()` is left out. The timestamp is an input.
- The file name built from the clock (line 84) and every file write (lines 85-86, 276-278) are left out.
- `json.dumps`, the HTML template (lines 94-258, 273) and every `print` are left out.
- The `input()` prompt (line 283) is left out. The target is only passed to the trace command.
- Unicode digits are left out. `\d` is modelled as the ASCII digits 0-9 (`IsDigit`), while Python's `str` patterns also accept other Unicode decimal digits.
- Traceroute.GetTraceroute: the public-address response is not checked. The first hop is whatever text the service returns, which may be an IPv6 address. Only the hops after it are dotted quads; the first need not be.
- RouteData.AssembleRoute and RouteData.BuildPoints follow the code's `zip`: unequal lists are truncated to the shorter one. They do not require equal lengths; with unequal lists the extra elements are ignored. In `main` both lists always have the same length (`Pipeline.TraceMap`).
