/**
 One handler for all routes, as a function: from the parsed request, the registry and the
 device's answer to the reply and the call that was made.
 */
module Handlers {
  import opened CText
  import opened Devices
  import opened Endpoints
  import opened IntegerChecks
  import opened Json
  import opened Registry
  import opened Requests
  import opened Routes

  /** What the server was told about itself. */
  datatype Description = Description(serverName: string, manufacturer: string, manufacturerVersion: string, location: string)

  /** What the handlers take from code outside this model. */
  datatype Env = Env(
    isFloat: string -> bool,                 // `strtof` and `strtod` reach the terminator
    message: nat -> Option<string>,          // the installed error message function
    nameOf: Device -> string,
    uniqueIdOf: Device -> string,
    description: Description)

  /** A parameter as the device receives it. A decimal stays text: its value is foreign. */
  datatype Arg = TextArg(text: string) | FlagArg(flag: bool) | IntArg(number: int) | FloatArg(decimal: string)

  /** A call of a device, and the class that the handler cast it to, if it did. */
  datatype DeviceCall = DeviceCall(device: Device, castTo: Option<DeviceClass>, endpoint: Endpoint, args: seq<Arg>)

  /** What the device returns: an error code, 0 for success, and a value. */
  datatype Answer = Answer(err: int, value: Json)

  datatype Response = JsonReply(items: seq<Item>) | ErrorReply(status: int)

  datatype Outcome = Outcome(response: Response, call: Option<DeviceCall>)

  // ---- parameters ----

  /** The argument that a parameter's text stands for, or None when it is malformed. */
  function Convert(env: Env, check: Check, s: string): Option<Arg> {
    match check
    case AnyText => Some(TextArg(s))
    case TrueOrFalse =>
      if SameText(s, "true", false) then Some(FlagArg(true))
      else if SameText(s, "false", false) then Some(FlagArg(false))
      else None
    case StrictInt =>
      (match StrictInteger(s)
       case None => None
       case Some(n) => Some(IntArg(n)))
    case LenientInt =>
      (match LenientInteger(s)
       case None => None
       case Some(n) => Some(IntArg(n)))
    case Decimals => if env.isFloat(s) then Some(FloatArg(s)) else None
  }

  function ReadParam(env: Env, p: Param, body: seq<Item>): Option<Arg> {
    match StringItem(body, p.name, p.caseSensitive)
    case None => None
    case Some(s) => Convert(env, p.check, s)
  }

  /** All the parameters, or None when any of them is missing or malformed. */
  function ReadParams(env: Env, ps: seq<Param>, body: seq<Item>): Option<seq<Arg>> {
    if ps == [] then Some([])
    else
      match ReadParam(env, ps[0], body)
      case None => None
      case Some(a) =>
        match ReadParams(env, ps[1..], body)
        case None => None
        case Some(rest) => Some([a] + rest)
  }

  // ---- replies ----

  const NOT_IMPLEMENTED := 0x400

  /** `set_error`: the number is the code itself, the text is looked up for a `uint16_t`. */
  function ErrorItems(env: Env, err: int): seq<Item> {
    var text := env.message(err % 0x1_0000);
    [Item("ErrorNumber", Number(err as real)),
     Item("ErrorMessage", Text(if text.Some? then text.value else "Unknown error"))]
  }

  function IdItems(p: Parsed): seq<Item> {
    [Item("ClientTransactionID", Number(p.fields.clientTransactionId as real)),
     Item("ServerTransactionID", Number(p.serverTransactionId as real))]
  }

  /** What a device call leaves in the reply. */
  function AnswerItems(env: Env, p: Endpoint, answer: Answer): seq<Item> {
    if answer.err != 0 then ErrorItems(env, answer.err)
    else if p.returnsValue then [Item("Value", answer.value)]
    else []
  }

  function ErrorStatus(s: Status): int {
    if s == NotFound then 404 else 400
  }

  /** The one handler that answers 404 instead of an error number to a device of another class. */
  predicate RefusesOtherTypes(p: Endpoint) {
    p.name == "calibratoron"
  }

  function DescriptionItems(d: Description): seq<Item> {
    [Item("ServerName", Text(d.serverName)),
     Item("Manufacturer", Text(d.manufacturer)),
     Item("ManufacturerVersion", Text(d.manufacturerVersion)),
     Item("Location", Text(d.location))]
  }

  function EntryJson(env: Env, e: Entry): Json {
    Object([Item("DeviceName", Text(env.nameOf(e.device))),
            Item("DeviceType", Text(FriendlyName(e.device.Type()))),
            Item("DeviceNumber", Number(e.number as real)),
            Item("UniqueID", Text(env.uniqueIdOf(e.device)))])
  }

  function ListingJson(env: Env, entries: seq<Entry>): seq<Json> {
    seq(|entries|, i requires 0 <= i < |entries| => EntryJson(env, entries[i]))
  }

  /** The value of a management route. */
  function ManagementValue(env: Env, target: Target, m: DeviceMap): Json
    requires !target.Common? && !target.Specific?
  {
    match target
    case ApiVersions => List([Number(1.0)])
    case ServerDescription => Object(DescriptionItems(env.description))
    case ConfiguredDevices => List(ListingJson(env, Listing(m)))
  }

  // ---- the handler ----

  predicate IsDeviceTarget(target: Target) {
    target.Common? || target.Specific?
  }

  /** May the handler use the device it was routed to? Common handlers never ask. */
  predicate TypeMatches(target: Target, t: DeviceType)
    requires IsDeviceTarget(target)
  {
    target.Common? || t == TypeOfClass(target.cls)
  }

  function CastOf(target: Target): Option<DeviceClass>
    requires IsDeviceTarget(target)
  {
    if target.Common? then None else Some(target.cls)
  }

  /** A device handler behind a successful `parse_request`. */
  function DeviceOutcome(env: Env, target: Target, p: Parsed, device: Device, answer: Answer): Outcome
    requires IsDeviceTarget(target)
  {
    if !TypeMatches(target, p.deviceType) then
      if RefusesOtherTypes(target.endpoint) then Outcome(ErrorReply(404), None)
      else Outcome(JsonReply(ErrorItems(env, NOT_IMPLEMENTED) + IdItems(p)), None)
    else
      match ReadParams(env, target.endpoint.params, p.fields.body)
      case None => Outcome(ErrorReply(400), None)
      case Some(args) =>
        Outcome(JsonReply(AnswerItems(env, target.endpoint, answer) + IdItems(p)),
                Some(DeviceCall(device, CastOf(target), target.endpoint, args)))
  }

  /** Any handler, parsing included. Management handlers ignore the outcome of the parse. */
  function OutcomeOf(env: Env, target: Target, req: HttpRequest, m: DeviceMap, counter: nat, answer: Answer): Outcome {
    var p := ParsedOf(req, counter);
    if !IsDeviceTarget(target) then
      Outcome(JsonReply([Item("Value", ManagementValue(env, target, m))] + IdItems(p)), None)
    else if StatusOf(req, m) != OK then
      Outcome(ErrorReply(ErrorStatus(StatusOf(req, m))), None)
    else
      DeviceOutcome(env, target, p, DevicesOf(m, p.deviceType)[p.deviceNumber], answer)
  }
}
