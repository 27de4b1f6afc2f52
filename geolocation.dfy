/**
 * get_ip_location: turn the geolocation service's answer for one address
 * into a location record. It has no error channel: every failure gives the
 * same "Unknown" record, and a record is never part real, part sentinel.
 *
 * The HTTP request and the JSON decoding are not modelled; their outcome is
 * the input. JSON values are opaque: the fields are copied, never computed on.
 */
module Geolocation {
  import opened Options

  /** A decoded JSON value. Numbers keep their literal text, lists and objects are opaque. */
  datatype Value = Str(text: string) | Int(n: int) | Float(literal: string) | Bool(b: bool) | Null | Composite

  /** The decoded body: a JSON object, or any other JSON document. */
  datatype Document = Object(fields: map<string, Value>) | NotObject

  /** The request and the decoding either raise or give a document. */
  datatype Response = RequestFailed | Decoded(doc: Document)

  /** The five fields the source returns, each copied as the service sent it. */
  datatype Location = Location(country: Value, city: Value, lat: Value, lon: Value, isp: Value)

  /** The record returned whenever the location cannot be determined. */
  const Unknown := Location(Str("Unknown"), Str("Unknown"), Int(0), Int(0), Str("Unknown"))

  const SuccessStatus := Str("success")

  /** `data[key]`: a KeyError or, on a document that is not an object, a TypeError gives None. */
  function Field(doc: Document, key: string): Option<Value>
  {
    match doc
    case NotObject => None
    case Object(fields) => if key in fields then Some(fields[key]) else None
  }

  /** The returned dict literal, read key by key in the order the source writes it. */
  function CopyFields(doc: Document): Option<Location>
  {
    match Field(doc, "country")
    case None => None
    case Some(country) =>
      match Field(doc, "city")
      case None => None
      case Some(city) =>
        match Field(doc, "lat")
        case None => None
        case Some(lat) =>
          match Field(doc, "lon")
          case None => None
          case Some(lon) =>
            match Field(doc, "isp")
            case None => None
            case Some(isp) => Some(Location(country, city, lat, lon, isp))
  }

  /** The service reported success and sent every field the record needs. */
  ghost predicate Reports(r: Response) {
    r.Decoded? && r.doc.Object? &&
    var m := r.doc.fields;
    "status" in m && m["status"] == Str("success") &&
    "country" in m && "city" in m && "lat" in m && "lon" in m && "isp" in m
  }

  /** The record of the service's answer, field for field. */
  ghost function Reported(r: Response): Location
    requires Reports(r)
  {
    var m := r.doc.fields;
    Location(m["country"], m["city"], m["lat"], m["lon"], m["isp"])
  }

  /**
   * The try block and its two fallbacks: a failed request, an undecodable
   * body, a missing status or field (KeyError) or a document that is not an
   * object (TypeError) lands in the except branch; a status other than
   * "success" takes the second return.
   */
  function GetIpLocation(r: Response): (loc: Location)
    ensures Reports(r) ==> loc == Reported(r)
    ensures !Reports(r) ==> loc == Unknown
  {
    match r
    case RequestFailed => Unknown
    case Decoded(doc) =>
      match Field(doc, "status")
      case None => Unknown
      case Some(status) =>
        if status == SuccessStatus then
          match CopyFields(doc)
          case Some(loc) => loc
          case None => Unknown
        else Unknown
  }

  /** No mixed record: the result is wholly the service's answer or wholly the sentinel. */
  lemma NoPartialLocation(r: Response)
    ensures GetIpLocation(r) == Unknown ||
      (r.Decoded? && r.doc.Object? && GetIpLocation(r) == Reported(r))
  {
  }
}
