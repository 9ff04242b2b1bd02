/** What a request means: `parse_request` as a function of the request and the server's state. */
module Requests {
  import opened CText
  import opened Decimal
  import opened Devices
  import opened Endpoints
  import opened Merge
  import opened QueryPairs
  import opened Registry
  import opened RequestText
  import opened Uri

  const MAX_QUERY := 512
  const BODY_BUFFER := 4096
  const FORM_TYPE := "application/x-www-form-urlencoded"

  /**
   A request as the HTTP library hands it over. `received` is what one call of `httpd_req_recv`
   delivers, nothing when it fails.
   */
  datatype HttpRequest = HttpRequest(
    verb: Verb, uri: string, contentLength: int, received: string, contentType: string)

  /** The library never delivers more than it was asked for. */
  predicate IsDeliverable(req: HttpRequest) {
    req.contentLength > 0 ==> |req.received| <= req.contentLength
  }

  datatype Status = OK | InvalidSize | NotFound

  /** Is there a form body that the server reads? */
  predicate HasForm(req: HttpRequest) {
    && 0 < req.contentLength < BODY_BUFFER
    && req.received != []
    && SameText(req.contentType, FORM_TYPE, false)
  }

  function QueryPairsOf(req: HttpRequest): seq<Pair> {
    ParsePairs(CStr(QueryOf(req.uri)))
  }

  function FormPairsOf(req: HttpRequest): seq<Pair> {
    if HasForm(req) then ParsePairs(CStr(req.received)) else []
  }

  function FieldsOf(req: HttpRequest): Fields {
    if |QueryOf(req.uri)| > MAX_QUERY then NO_FIELDS else MergeFields(QueryPairsOf(req), FormPairsOf(req))
  }

  datatype Parsed = Parsed(fields: Fields, serverTransactionId: int, deviceNumber: nat, deviceType: DeviceType)

  /** The counter is a `uint32_t`; the request keeps it as an `int32_t`. */
  function NextId(counter: nat): nat {
    Wrap32(counter + 1)
  }

  function ParsedOf(req: HttpRequest, counter: nat): Parsed {
    var u := ScanUri(req.uri);
    Parsed(FieldsOf(req), ToInt32(NextId(counter)), u.number, TypeOfUriName(u.typeName))
  }

  function StatusOf(req: HttpRequest, m: DeviceMap): Status {
    var u := ScanUri(req.uri);
    var t := TypeOfUriName(u.typeName);
    if |QueryOf(req.uri)| > MAX_QUERY then InvalidSize
    else if t == Unknown then NotFound
    else if u.number >= |DevicesOf(m, t)| then NotFound
    else OK
  }

  /** The registry after the request: only the lookup of a known type may insert an empty entry. */
  function DevicesAfter(req: HttpRequest, m: DeviceMap): DeviceMap {
    var t := TypeOfUriName(ScanUri(req.uri).typeName);
    if |QueryOf(req.uri)| > MAX_QUERY || t == Unknown then m else Touch(m, t)
  }
}
